/**
 * The circle-method round robin of ScheduleGenerator.generateRoundRobinFixtures,
 * as functions of the roster, and the theorems it delivers for a proper roster:
 * N(N-1)/2 fixtures, every pair of teams exactly once, N-1 fixtures per team.
 */
module RoundRobin {
  import opened Seqs
  import opened Teams
  import opened CircleMethod

  /** The name of the placeholder team that pads an odd roster. */
  const BYE: string := "BYE"
  const ByeTeam: Team := Team(BYE, BYE, BYE, BYE)

  /** The generator recognises the placeholder by name alone. */
  predicate IsBye(t: Team) { t.name == BYE }

  const NotBye: Team -> bool := (t: Team) => !IsBye(t)

  /** A pairing before date and venue are assigned (ScheduleGenerator.MatchFixture). */
  datatype Fixture = Fixture(team1: Team, team2: Team)

  /** The unordered pair a fixture plays. */
  function Key(f: Fixture): set<Team> { {f.team1, f.team2} }

  /** The filter that counts a team's fixtures: one side has the team's name. */
  function FixtureInvolves(t: Team): Fixture -> bool
  {
    (f: Fixture) => f.team1.name == t.name || f.team2.name == t.name
  }

  /** The working list: an odd roster gets the placeholder appended. */
  function Padded(teams: seq<Team>): (w: seq<Team>)
    ensures |w| % 2 == 0
    ensures |w| == if |teams| % 2 == 1 then |teams| + 1 else |teams|
  {
    if |teams| % 2 == 1 then teams + [ByeTeam] else teams
  }

  /** rotateTeams: the last entry moves to index 1; lists of two or fewer stay as they are. */
  function Rotate(w: seq<Team>): (r: seq<Team>)
    ensures |r| == |w|
  {
    if |w| <= 2 then w else [w[0], w[|w| - 1]] + w[1..|w| - 1]
  }

  function RotateN(w: seq<Team>, k: nat): (r: seq<Team>)
    ensures |r| == |w|
  {
    if k == 0 then w else Rotate(RotateN(w, k - 1))
  }

  /** Slot i of a round on working list w: w[i] against w[n-1-i], dropped if either is the placeholder. */
  function SlotFixture(w: seq<Team>, i: nat): seq<Fixture>
    requires i < |w| / 2
  {
    var a, b := w[i], w[|w| - 1 - i];
    if !IsBye(a) && !IsBye(b) then [Fixture(a, b)] else []
  }

  /** The fixtures of slots 0 .. i-1 of one round. */
  function RoundPrefix(w: seq<Team>, i: nat): seq<Fixture>
    requires i <= |w| / 2
  {
    if i == 0 then [] else RoundPrefix(w, i - 1) + SlotFixture(w, i - 1)
  }

  function Round(w: seq<Team>): seq<Fixture>
  {
    RoundPrefix(w, |w| / 2)
  }

  /** The fixtures of the first k rounds, rotating after each. */
  function Rounds(w: seq<Team>, k: nat): seq<Fixture>
  {
    if k == 0 then [] else Rounds(w, k - 1) + Round(RotateN(w, k - 1))
  }

  /** The fixtures generateRoundRobinFixtures returns, in emission order. */
  function RoundRobinFixtures(teams: seq<Team>): seq<Fixture>
  {
    var w := Padded(teams);
    Rounds(w, if |w| == 0 then 0 else |w| - 1)
  }

  /** A roster the theorems are about: at least two teams, distinct names, none named like the placeholder. */
  predicate ProperRoster(teams: seq<Team>)
  {
    && |teams| >= 2
    && DistinctNames(teams)
    && (forall i :: 0 <= i < |teams| ==> !IsBye(teams[i]))
  }

  predicate DistinctNames(teams: seq<Team>)
  {
    forall i, j :: 0 <= i < j < |teams| ==> teams[i].name != teams[j].name
  }

  /** No two fixtures of `fs` play the same unordered pair. */
  ghost predicate DistinctPairs(fs: seq<Fixture>)
  {
    forall i, j :: 0 <= i < j < |fs| ==> Key(fs[i]) != Key(fs[j])
  }

  // ---------------------------------------------------------------------------
  // The working list

  /**
   * A working list built from N roster teams: even length, distinct names, and the
   * placeholder exactly at the padding position, if any.
   */
  predicate WorkingList(w: seq<Team>, N: int)
  {
    && EvenSize(|w|)
    && 2 <= N <= |w| <= N + 1
    && DistinctNames(w)
    && (forall k :: 0 <= k < |w| ==> (IsBye(w[k]) <==> k >= N))
  }

  lemma PaddedFacts(teams: seq<Team>)
    requires ProperRoster(teams)
    ensures WorkingList(Padded(teams), |teams|)
    ensures forall k :: 0 <= k < |teams| ==> Padded(teams)[k] == teams[k]
  {
  }

  /** After k <= n-1 rotations position p holds the entry that started at Pos(n, k, p). */
  lemma {:induction false} RotateNAt(w: seq<Team>, k: nat, p: int)
    requires EvenSize(|w|) && k <= |w| - 1 && 0 <= p < |w|
    ensures RotateN(w, k)[p] == w[Pos(|w|, k, p)]
  {
    if k > 0 {
      var n := |w|;
      var src := if p == 0 then 0 else if p == 1 then n - 1 else p - 1;
      RotateNAt(w, k - 1, src);
      PosStep(n, k - 1, p);
    }
  }

  /** n-1 one-step rotations of the n-1 movable entries compose to the identity. */
  lemma {:induction false} RotateNFullTurn(w: seq<Team>)
    requires EvenSize(|w|)
    ensures RotateN(w, |w| - 1) == w
  {
    forall p | 0 <= p < |w|
      ensures RotateN(w, |w| - 1)[p] == w[p]
    {
      RotateNAt(w, |w| - 1, p);
      PosFullTurn(|w|, p);
    }
  }

  // ---------------------------------------------------------------------------
  // Slots in terms of the original working list

  /** The fixture that slot i of round r would hold, read off the unrotated working list. */
  function SlotTeams(w: seq<Team>, r: int, i: int): Fixture
    requires EvenSize(|w|) && 0 <= r <= |w| - 1 && 0 <= i < |w| / 2
  {
    Fixture(w[Pos(|w|, r, i)], w[Pos(|w|, r, (|w| - 1) - i)])
  }

  /** Whether slot i of round r is emitted (neither side is the placeholder). */
  predicate SlotPlayed(w: seq<Team>, r: int, i: int)
    requires EvenSize(|w|) && 0 <= r <= |w| - 1 && 0 <= i < |w| / 2
  {
    !IsBye(SlotTeams(w, r, i).team1) && !IsBye(SlotTeams(w, r, i).team2)
  }

  lemma SlotFixtureRotated(w: seq<Team>, r: nat, i: nat)
    requires EvenSize(|w|) && r <= |w| - 1 && i < |w| / 2
    ensures SlotFixture(RotateN(w, r), i) == if SlotPlayed(w, r, i) then [SlotTeams(w, r, i)] else []
  {
    RotateNAt(w, r, i);
    RotateNAt(w, r, (|w| - 1) - i);
  }

  /** A fixture of the first i slots is in the first i - 1 or in slot i - 1. */
  lemma PrefixGrow(v: seq<Team>, i: nat, f: Fixture)
    requires 0 < i <= |v| / 2
    ensures f in RoundPrefix(v, i) <==> f in RoundPrefix(v, i - 1) || f in SlotFixture(v, i - 1)
  {
  }

  /** Every fixture of the first i slots of round r is the fixture of one of those slots. */
  lemma {:induction false} RoundPrefixMember(w: seq<Team>, r: nat, i: nat, f: Fixture) returns (j: int)
    requires EvenSize(|w|) && r <= |w| - 1 && i <= |w| / 2
    requires f in RoundPrefix(RotateN(w, r), i)
    ensures 0 <= j < i && SlotPlayed(w, r, j) && f == SlotTeams(w, r, j)
  {
    PrefixGrow(RotateN(w, r), i, f);
    if f in RoundPrefix(RotateN(w, r), i - 1) {
      j := RoundPrefixMember(w, r, i - 1, f);
    } else {
      SlotFixtureRotated(w, r, i - 1);
      j := i - 1;
    }
  }

  /** Every played slot among the first i is in the round's prefix. */
  lemma {:induction false} RoundPrefixContains(w: seq<Team>, r: nat, i: nat, j: nat)
    requires EvenSize(|w|) && r <= |w| - 1 && j < i <= |w| / 2 && SlotPlayed(w, r, j)
    ensures SlotTeams(w, r, j) in RoundPrefix(RotateN(w, r), i)
  {
    PrefixGrow(RotateN(w, r), i, SlotTeams(w, r, j));
    if j < i - 1 {
      RoundPrefixContains(w, r, i - 1, j);
    } else {
      SlotFixtureRotated(w, r, i - 1);
    }
  }

  /** Rounds(w, k) extends Rounds(w, k - 1). */
  lemma RoundsGrowLeft(w: seq<Team>, k: nat, f: Fixture)
    requires EvenSize(|w|) && 0 < k <= |w| - 1 && f in Rounds(w, k - 1)
    ensures f in Rounds(w, k)
  {
  }

  /** Rounds(w, k) ends with round k - 1. */
  lemma RoundsGrowRight(w: seq<Team>, k: nat, f: Fixture)
    requires EvenSize(|w|) && 0 < k <= |w| - 1 && f in RoundPrefix(RotateN(w, k - 1), |w| / 2)
    ensures f in Rounds(w, k)
  {
  }

  /** A fixture of Rounds(w, k) is in Rounds(w, k - 1) or in round k - 1. */
  lemma RoundsSplit(w: seq<Team>, k: nat, f: Fixture)
    requires EvenSize(|w|) && 0 < k <= |w| - 1 && f in Rounds(w, k)
    ensures f in Rounds(w, k - 1) || f in RoundPrefix(RotateN(w, k - 1), |w| / 2)
  {
  }

  /** Every fixture of the first k rounds is the fixture of a played slot of one of them. */
  lemma {:induction false} RoundsMember(w: seq<Team>, k: nat, f: Fixture) returns (r: int, j: int)
    requires EvenSize(|w|) && k <= |w| - 1
    requires f in Rounds(w, k)
    ensures 0 <= r < k && 0 <= j < |w| / 2 && SlotPlayed(w, r, j) && f == SlotTeams(w, r, j)
  {
    RoundsSplit(w, k, f);
    if f in RoundPrefix(RotateN(w, k - 1), |w| / 2) {
      r := k - 1;
      j := RoundPrefixMember(w, k - 1, |w| / 2, f);
    } else {
      r, j := RoundsMember(w, k - 1, f);
    }
  }

  lemma {:induction false} RoundsContains(w: seq<Team>, k: nat, r: nat, j: nat)
    requires EvenSize(|w|) && r < k <= |w| - 1 && j < |w| / 2 && SlotPlayed(w, r, j)
    ensures SlotTeams(w, r, j) in Rounds(w, k)
  {
    if r == k - 1 {
      RoundPrefixContains(w, r, |w| / 2, j);
      RoundsGrowRight(w, k, SlotTeams(w, r, j));
    } else {
      RoundsContains(w, k - 1, r, j);
      RoundsGrowLeft(w, k, SlotTeams(w, r, j));
    }
  }

  // ---------------------------------------------------------------------------
  // No pair twice

  lemma DistinctPairsConcat(a: seq<Fixture>, b: seq<Fixture>)
    requires DistinctPairs(a) && DistinctPairs(b)
    requires forall f, g :: f in a && g in b ==> Key(f) != Key(g)
    ensures DistinctPairs(a + b)
  {
    forall i, j | 0 <= i < j < |a + b|
      ensures Key((a + b)[i]) != Key((a + b)[j])
    {
      if j < |a| {
      } else if i >= |a| {
        assert (a + b)[i] == b[i - |a|] && (a + b)[j] == b[j - |a|];
      } else {
        assert (a + b)[i] in a && (a + b)[j] in b;
      }
    }
  }

  /** Two slots that play the same pair of teams are the same slot. */
  lemma SlotKeysDistinct(w: seq<Team>, r1: int, i1: int, r2: int, i2: int)
    requires EvenSize(|w|) && DistinctNames(w)
    requires 0 <= r1 < |w| - 1 && 0 <= r2 < |w| - 1 && 0 <= i1 < |w| / 2 && 0 <= i2 < |w| / 2
    requires Key(SlotTeams(w, r1, i1)) == Key(SlotTeams(w, r2, i2))
    ensures r1 == r2 && i1 == i2
  {
    var n := |w|;
    var a, b := Pos(n, r1, i1), Pos(n, r1, (n - 1) - i1);
    var c, d := Pos(n, r2, i2), Pos(n, r2, (n - 1) - i2);
    assert w[a] in {w[c], w[d]} && w[b] in {w[c], w[d]};
    assert w[c] in {w[a], w[b]} && w[d] in {w[a], w[b]};
    assert a == c || a == d;
    assert b == c || b == d;
    assert c == a || c == b;
    assert d == a || d == b;
    assert SlotPair(n, r1, i1) == SlotPair(n, r2, i2);
    SlotPairUnique(n, r1, i1, r2, i2);
  }

  lemma SlotKeysDiffer(w: seq<Team>, r1: int, i1: int, r2: int, i2: int)
    requires EvenSize(|w|) && DistinctNames(w)
    requires 0 <= r1 < |w| - 1 && 0 <= r2 < |w| - 1 && 0 <= i1 < |w| / 2 && 0 <= i2 < |w| / 2
    requires r1 != r2 || i1 != i2
    ensures Key(SlotTeams(w, r1, i1)) != Key(SlotTeams(w, r2, i2))
  {
    if Key(SlotTeams(w, r1, i1)) == Key(SlotTeams(w, r2, i2)) {
      SlotKeysDistinct(w, r1, i1, r2, i2);
    }
  }

  /** The slot about to be appended plays a pair no earlier slot of its round plays. */
  lemma NewSlotIsNewPair(w: seq<Team>, r: nat, i: nat)
    requires EvenSize(|w|) && DistinctNames(w) && r < |w| - 1 && 0 < i <= |w| / 2
    ensures forall f, g :: f in RoundPrefix(RotateN(w, r), i - 1) && g in SlotFixture(RotateN(w, r), i - 1) ==>
              Key(f) != Key(g)
  {
    SlotFixtureRotated(w, r, i - 1);
    forall f | f in RoundPrefix(RotateN(w, r), i - 1)
      ensures Key(f) != Key(SlotTeams(w, r, i - 1))
    {
      PrefixSlotDiffers(w, r, i, f);
    }
  }

  /** A fixture among the first i - 1 slots is not the pair of slot i - 1. */
  lemma PrefixSlotDiffers(w: seq<Team>, r: nat, i: nat, f: Fixture)
    requires EvenSize(|w|) && DistinctNames(w) && r < |w| - 1 && 0 < i <= |w| / 2
    requires f in RoundPrefix(RotateN(w, r), i - 1)
    ensures Key(f) != Key(SlotTeams(w, r, i - 1))
  {
    var j := RoundPrefixMember(w, r, i - 1, f);
    SlotKeysDiffer(w, r, j, r, i - 1);
  }

  lemma {:induction false} RoundPrefixDistinct(w: seq<Team>, r: nat, i: nat)
    requires EvenSize(|w|) && DistinctNames(w) && r < |w| - 1 && i <= |w| / 2
    ensures DistinctPairs(RoundPrefix(RotateN(w, r), i))
  {
    if i > 0 {
      RoundPrefixDistinct(w, r, i - 1);
      SlotFixtureRotated(w, r, i - 1);
      NewSlotIsNewPair(w, r, i);
      DistinctPairsConcat(RoundPrefix(RotateN(w, r), i - 1), SlotFixture(RotateN(w, r), i - 1));
    }
  }

  /** A played slot of an earlier round and a fixture of round k-1 play different pairs. */
  lemma EarlierSlotDiffers(w: seq<Team>, k: nat, r1: int, j1: int, g: Fixture)
    requires EvenSize(|w|) && DistinctNames(w) && 0 < k <= |w| - 1
    requires 0 <= r1 < k - 1 && 0 <= j1 < |w| / 2
    requires g in RoundPrefix(RotateN(w, k - 1), |w| / 2)
    ensures Key(SlotTeams(w, r1, j1)) != Key(g)
  {
    var j2 := RoundPrefixMember(w, k - 1, |w| / 2, g);
    SlotKeysDiffer(w, r1, j1, k - 1, j2);
  }

  /** A fixture of the first k-1 rounds and one of round k-1 play different pairs. */
  lemma EarlierRoundsDiffer(w: seq<Team>, k: nat, f: Fixture, g: Fixture)
    requires EvenSize(|w|) && DistinctNames(w) && 0 < k <= |w| - 1
    requires f in Rounds(w, k - 1) && g in RoundPrefix(RotateN(w, k - 1), |w| / 2)
    ensures Key(f) != Key(g)
  {
    var r1, j1 := RoundsMember(w, k - 1, f);
    EarlierSlotDiffers(w, k, r1, j1, g);
  }

  lemma RoundsAppend(w: seq<Team>, k: nat)
    requires EvenSize(|w|) && 0 < k <= |w| - 1
    ensures Rounds(w, k) == Rounds(w, k - 1) + RoundPrefix(RotateN(w, k - 1), |w| / 2)
  {
  }

  lemma {:induction false} RoundsDistinct(w: seq<Team>, k: nat)
    requires EvenSize(|w|) && DistinctNames(w) && k <= |w| - 1
    ensures DistinctPairs(Rounds(w, k))
  {
    if k > 0 {
      RoundsDistinct(w, k - 1);
      RoundPrefixDistinct(w, k - 1, |w| / 2);
      var a := Rounds(w, k - 1);
      var b := RoundPrefix(RotateN(w, k - 1), |w| / 2);
      forall f, g | f in a && g in b
        ensures Key(f) != Key(g)
      {
        EarlierRoundsDiffer(w, k, f, g);
      }
      DistinctPairsConcat(a, b);
      RoundsAppend(w, k);
    }
  }

  /** No unordered pair of teams is scheduled twice. */
  lemma RoundRobinNoPairTwice(teams: seq<Team>)
    requires ProperRoster(teams)
    ensures DistinctPairs(RoundRobinFixtures(teams))
  {
    PaddedFacts(teams);
    RoundsDistinct(Padded(teams), |Padded(teams)| - 1);
  }

  // ---------------------------------------------------------------------------
  // Every pair once, and only proper fixtures

  /** Two distinct roster entries share a played slot of some round. */
  lemma SlotOfPair(w: seq<Team>, N: int, a: int, b: int) returns (r: int, i: int)
    requires WorkingList(w, N) && 0 <= a < N && 0 <= b < N && a != b
    ensures 0 <= r < |w| - 1 && 0 <= i < |w| / 2 && SlotPlayed(w, r, i)
    ensures Key(SlotTeams(w, r, i)) == {w[a], w[b]}
  {
    var n := |w|;
    r, i := SlotPairExists(n, a, b);
    assert {Pos(n, r, i), Pos(n, r, (n - 1) - i)} == {a, b};
    assert Pos(n, r, i) < N && Pos(n, r, (n - 1) - i) < N;
  }

  /** Every pair of distinct roster teams meets in some fixture. */
  lemma RoundRobinCoversEveryPair(teams: seq<Team>, a: int, b: int) returns (k: int)
    requires ProperRoster(teams) && 0 <= a < |teams| && 0 <= b < |teams| && a != b
    ensures 0 <= k < |RoundRobinFixtures(teams)|
    ensures Key(RoundRobinFixtures(teams)[k]) == {teams[a], teams[b]}
  {
    var w := Padded(teams);
    PaddedFacts(teams);
    var r, i := SlotOfPair(w, |teams|, a, b);
    assert {w[a], w[b]} == {teams[a], teams[b]};
    RoundsContains(w, |w| - 1, r, i);
    var fs := Rounds(w, |w| - 1);
    assert fs == RoundRobinFixtures(teams);
    k :| 0 <= k < |fs| && fs[k] == SlotTeams(w, r, i);
  }

  /** Each fixture pits two different roster teams, neither of them the placeholder. */
  lemma RoundRobinFixtureIsProper(teams: seq<Team>, k: int) returns (a: int, b: int)
    requires ProperRoster(teams) && 0 <= k < |RoundRobinFixtures(teams)|
    ensures 0 <= a < |teams| && 0 <= b < |teams| && a != b
    ensures RoundRobinFixtures(teams)[k] == Fixture(teams[a], teams[b])
    ensures RoundRobinFixtures(teams)[k].team1.name != RoundRobinFixtures(teams)[k].team2.name
    ensures !IsBye(RoundRobinFixtures(teams)[k].team1) && !IsBye(RoundRobinFixtures(teams)[k].team2)
  {
    var w := Padded(teams);
    var n := |w|;
    PaddedFacts(teams);
    var f := RoundRobinFixtures(teams)[k];
    var r, j := RoundsMember(w, n - 1, f);
    a, b := Pos(n, r, j), Pos(n, r, (n - 1) - j);
    SlotPairDistinct(n, r, j);
    assert a < |teams| && b < |teams|;
    assert f == Fixture(teams[a], teams[b]);
  }

  // ---------------------------------------------------------------------------
  // How many fixtures, and how many per team

  /** With an odd roster, the slot that holds the placeholder is the one slot of a round not played. */
  lemma SlotPlayedIff(w: seq<Team>, N: int, r: int, i: int)
    requires WorkingList(w, N) && 0 <= r < |w| - 1 && 0 <= i < |w| / 2
    ensures SlotPlayed(w, r, i) <==> !(N < |w| && i == SlotOf(|w|, r, |w| - 1))
  {
    var n := |w|;
    if N < n {
      var a, b := Pos(n, r, i), Pos(n, r, (n - 1) - i);
      if a == n - 1 || b == n - 1 {
        SlotOfUnique(n, r, n - 1, i);
      }
    }
  }

  lemma {:induction false} RoundPrefixLength(w: seq<Team>, N: int, r: int, i: nat)
    requires WorkingList(w, N) && 0 <= r < |w| - 1 && i <= |w| / 2
    ensures |RoundPrefix(RotateN(w, r), i)| == i - (if N < |w| && SlotOf(|w|, r, |w| - 1) < i then 1 else 0)
  {
    if i > 0 {
      RoundPrefixLength(w, N, r, i - 1);
      SlotFixtureRotated(w, r, i - 1);
      SlotPlayedIff(w, N, r, i - 1);
    }
  }

  /** Each round plays a fixture per slot, less the placeholder's slot when there is one. */
  lemma RoundLength(w: seq<Team>, N: int, r: int)
    requires WorkingList(w, N) && 0 <= r < |w| - 1
    ensures |Round(RotateN(w, r))| == |w| / 2 - (if N < |w| then 1 else 0)
  {
    var n := |w|;
    RoundPrefixLength(w, N, r, n / 2);
    assert SlotOf(n, r, n - 1) < n / 2;
  }

  /** When each of the first k rounds plays d fixtures, together they play k * d. */
  lemma {:induction false} RoundsLength(w: seq<Team>, k: nat, d: int)
    requires forall r :: 0 <= r < k ==> |Round(RotateN(w, r))| == d
    ensures |Rounds(w, k)| == k * d
  {
    if k > 0 {
      RoundsLength(w, k - 1, d);
      MulStep(k, d);
    }
  }

  lemma MulStep(k: int, d: int)
    ensures k * d == (k - 1) * d + d
  {
  }

  lemma HalfProduct(a: int, g: int)
    ensures a * (2 * g) / 2 == a * g && (2 * g) * a / 2 == a * g
  {
    assert a * (2 * g) == 2 * (a * g);
  }

  lemma SizeArithmetic(N: int, rounds: int, perRound: int)
    requires N >= 2
    requires rounds == if N % 2 == 1 then N else N - 1
    requires perRound == if N % 2 == 1 then (N - 1) / 2 else N / 2
    ensures rounds * perRound == N * (N - 1) / 2
  {
    if N % 2 == 1 {
      HalfProduct(N, perRound);
      assert N - 1 == 2 * perRound;
    } else {
      HalfProduct(N - 1, perRound);
      assert N == 2 * perRound;
    }
  }

  /** Every round on a working list plays the same number of fixtures. */
  lemma EveryRoundLength(w: seq<Team>, N: int, d: int)
    requires WorkingList(w, N) && d == |w| / 2 - (if N < |w| then 1 else 0)
    ensures forall r :: 0 <= r < |w| - 1 ==> |Round(RotateN(w, r))| == d
  {
    forall r | 0 <= r < |w| - 1
      ensures |Round(RotateN(w, r))| == d
    {
      RoundLength(w, N, r);
    }
  }

  /** The n - 1 rounds on a working list play n - 1 times the fixtures of one round. */
  lemma RoundsLengthOf(w: seq<Team>, N: int, k: nat, d: int)
    requires WorkingList(w, N) && k == |w| - 1 && d == |w| / 2 - (if N < |w| then 1 else 0)
    ensures |Rounds(w, k)| == k * d
  {
    EveryRoundLength(w, N, d);
    RoundsLength(w, k, d);
  }

  lemma PaddedSizeArithmetic(N: int, n: int, k: int, d: int)
    requires N >= 2 && n == (if N % 2 == 1 then N + 1 else N)
    requires k == n - 1 && d == n / 2 - (if N < n then 1 else 0)
    ensures k * d == N * (N - 1) / 2
  {
    SizeArithmetic(N, k, d);
  }

  /** The fixtures of a roster of two or more are the n - 1 rounds on its working list. */
  lemma FixturesAreRounds(teams: seq<Team>, w: seq<Team>)
    requires |teams| >= 2 && w == Padded(teams)
    ensures RoundRobinFixtures(teams) == Rounds(w, |w| - 1)
  {
  }

  /** The n - 1 rounds on the working list of N teams play N(N-1)/2 fixtures. */
  lemma RoundsTotal(w: seq<Team>, N: int)
    requires WorkingList(w, N) && |w| == (if N % 2 == 1 then N + 1 else N)
    ensures |Rounds(w, |w| - 1)| == N * (N - 1) / 2
  {
    var k, d := |w| - 1, |w| / 2 - (if N < |w| then 1 else 0);
    RoundsLengthOf(w, N, k, d);
    PaddedSizeArithmetic(N, |w|, k, d);
  }

  /** The round robin has N(N-1)/2 fixtures. */
  lemma RoundRobinSize(teams: seq<Team>)
    requires ProperRoster(teams)
    ensures |RoundRobinFixtures(teams)| == |teams| * (|teams| - 1) / 2
  {
    var w := Padded(teams);
    FixturesAreRounds(teams, w);
    PaddedFacts(teams);
    RoundsTotal(w, |teams|);
  }

  /** Whether entry x of the working list plays in round r: not when its partner is the placeholder. */
  function PlaysRound(n: int, x: int, odd: bool): int -> bool
    requires EvenSize(n) && 0 <= x < n
  {
    (r: int) => 0 <= r < n - 1 && !(odd && Partner(n, r, x) == n - 1)
  }

  /** A slot involves entry x exactly when it is x's slot. */
  lemma SlotInvolves(w: seq<Team>, N: int, r: int, j: int, x: int)
    requires WorkingList(w, N) && 0 <= x < |w| && 0 <= r < |w| - 1 && 0 <= j < |w| / 2
    ensures FixtureInvolves(w[x])(SlotTeams(w, r, j)) <==> j == SlotOf(|w|, r, x)
  {
    var n := |w|;
    var a, b := Pos(n, r, j), Pos(n, r, (n - 1) - j);
    if a == x || b == x {
      SlotOfUnique(n, r, x, j);
    }
  }

  /** The slot of roster entry x is played unless its partner is the placeholder. */
  lemma PlayedSlotOfTeam(w: seq<Team>, N: int, r: int, x: int)
    requires WorkingList(w, N) && 0 <= x < N && 0 <= r < |w| - 1
    ensures SlotPlayed(w, r, SlotOf(|w|, r, x)) <==> !(N < |w| && Partner(|w|, r, x) == |w| - 1)
  {
    var n := |w|;
    var i := SlotOf(n, r, x);
    SlotPlayedIff(w, N, r, i);
    SlotOfUnique(n, r, x, i);
    if N < n {
      if Partner(n, r, x) == n - 1 {
        SlotOfUnique(n, r, n - 1, i);
      } else if i == SlotOf(n, r, n - 1) {
        SlotOfUnique(n, r, n - 1, i);
        SlotPairDistinct(n, r, i);
      }
    }
  }

  /** Slot j of round r holds one fixture of entry x if it is x's slot and is played, otherwise none. */
  lemma SlotTeamCount(w: seq<Team>, N: int, r: int, j: int, x: int)
    requires WorkingList(w, N) && 0 <= x < N && 0 <= r < |w| - 1 && 0 <= j < |w| / 2
    ensures |Filter(SlotFixture(RotateN(w, r), j), FixtureInvolves(w[x]))|
              == if j == SlotOf(|w|, r, x) && PlaysRound(|w|, x, N < |w|)(r) then 1 else 0
  {
    SlotFixtureRotated(w, r, j);
    SlotInvolves(w, N, r, j, x);
    PlayedSlotOfTeam(w, N, r, x);
    if SlotPlayed(w, r, j) {
      FilterSingleton(SlotTeams(w, r, j), FixtureInvolves(w[x]));
    }
  }

  lemma {:induction false} RoundPrefixTeamCount(w: seq<Team>, N: int, r: int, i: nat, x: int)
    requires WorkingList(w, N) && 0 <= x < N && 0 <= r < |w| - 1 && i <= |w| / 2
    ensures |Filter(RoundPrefix(RotateN(w, r), i), FixtureInvolves(w[x]))|
              == if SlotOf(|w|, r, x) < i && PlaysRound(|w|, x, N < |w|)(r) then 1 else 0
  {
    if i > 0 {
      var pre := RoundPrefix(RotateN(w, r), i - 1);
      var slot := SlotFixture(RotateN(w, r), i - 1);
      RoundPrefixTeamCount(w, N, r, i - 1, x);
      FilterConcat(pre, slot, FixtureInvolves(w[x]));
      SlotTeamCount(w, N, r, i - 1, x);
    }
  }

  lemma {:induction false} RoundsTeamCount(w: seq<Team>, N: int, k: nat, x: int)
    requires WorkingList(w, N) && 0 <= x < N && k <= |w| - 1
    ensures |Filter(Rounds(w, k), FixtureInvolves(w[x]))| == CountInts(0, k, PlaysRound(|w|, x, N < |w|))
  {
    if k > 0 {
      RoundsTeamCount(w, N, k - 1, x);
      RoundPrefixTeamCount(w, N, k - 1, |w| / 2, x);
      FilterConcat(Rounds(w, k - 1), Round(RotateN(w, k - 1)), FixtureInvolves(w[x]));
    }
  }

  /** Entry x meets the placeholder (entry n-1) in exactly one round, so it sits out exactly one. */
  lemma PlaysRoundCount(n: int, x: int, odd: bool)
    requires EvenSize(n) && 0 <= x < n && (odd ==> x != n - 1)
    ensures CountInts(0, n - 1, PlaysRound(n, x, odd)) == if odd then n - 2 else n - 1
  {
    var c := PlaysRound(n, x, odd);
    if odd {
      var e := PartnerSurjective(n, x, n - 1);
      forall r | 0 <= r < n - 1
        ensures c(r) <==> r != e
      {
        if Partner(n, r, x) == n - 1 {
          PartnerInjective(n, x, r, e);
        }
      }
      CountIntsAllBut(0, n - 1, c, e);
    } else {
      CountIntsAll(0, n - 1, c);
    }
  }

  /** Every team plays N-1 fixtures. */
  lemma RoundRobinTeamCount(teams: seq<Team>, x: int)
    requires ProperRoster(teams) && 0 <= x < |teams|
    ensures |Filter(RoundRobinFixtures(teams), FixtureInvolves(teams[x]))| == |teams| - 1
  {
    PaddedFacts(teams);
    WorkingListTeamCount(Padded(teams), |teams|, x);
  }

  /** On a working list, entry x < N plays N - 1 fixtures over the n - 1 rounds. */
  lemma WorkingListTeamCount(w: seq<Team>, N: int, x: int)
    requires WorkingList(w, N) && 0 <= x < N
    ensures |Filter(Rounds(w, |w| - 1), FixtureInvolves(w[x]))| == N - 1
  {
    RoundsTeamCount(w, N, |w| - 1, x);
    CountedRounds(w, N, x, |Filter(Rounds(w, |w| - 1), FixtureInvolves(w[x]))|);
  }

  /** Entry x < N takes part in N - 1 of the n - 1 rounds: all of them, or all but the one it meets the placeholder in. */
  lemma CountedRounds(w: seq<Team>, N: int, x: int, count: int)
    requires WorkingList(w, N) && 0 <= x < N
    requires count == CountInts(0, |w| - 1, PlaysRound(|w|, x, N < |w|))
    ensures count == N - 1
  {
    PlaysRoundCount(|w|, x, N < |w|);
  }

  // ---------------------------------------------------------------------------
  // The caller's list afterwards

  /**
   * The list the generator leaves behind: after the full turn the working list is back in its
   * starting order, and removing every placeholder-named entry leaves the roster without them.
   */
  lemma RosterRestored(teams: seq<Team>)
    ensures Filter(RotateN(Padded(teams), if |Padded(teams)| == 0 then 0 else |Padded(teams)| - 1), NotBye)
            == Filter(teams, NotBye)
  {
    var w := Padded(teams);
    if |w| > 0 {
      RotateNFullTurn(w);
    }
    if |teams| % 2 == 1 {
      FilterConcat(teams, [ByeTeam], NotBye);
      FilterSingleton(ByeTeam, NotBye);
    }
  }

  /** A proper roster has nothing for removeIf to remove. */
  lemma ProperRosterKeptWhole(teams: seq<Team>)
    requires ProperRoster(teams)
    ensures Filter(teams, NotBye) == teams
  {
    FilterAll(teams, NotBye);
  }

  // ---------------------------------------------------------------------------
  // Small rosters worked out

  /** Four teams: (A,D),(B,C) / (A,C),(D,B) / (A,B),(C,D). */
  lemma FourTeams(a: Team, b: Team, c: Team, d: Team)
    requires ProperRoster([a, b, c, d])
    ensures RoundRobinFixtures([a, b, c, d]) ==
      [Fixture(a, d), Fixture(b, c), Fixture(a, c), Fixture(d, b), Fixture(a, b), Fixture(c, d)]
  {
    var w := [a, b, c, d];
    var w1, w2 := [a, d, b, c], [a, c, d, b];
    assert !IsBye(a) && !IsBye(b) && !IsBye(c) && !IsBye(d) by {
      assert w[0] == a && w[1] == b && w[2] == c && w[3] == d;
    }
    assert RotateN(w, 1) == w1;
    assert RotateN(w, 2) == w2;
    assert Rounds(w, 1) == Round(w) by {
      assert Rounds(w, 1) == Rounds(w, 0) + Round(RotateN(w, 0));
    }
    assert Rounds(w, 2) == Round(w) + Round(w1);
    assert Rounds(w, 3) == Round(w) + Round(w1) + Round(w2);
    RoundOfFour(w);
    RoundOfFour(w1);
    RoundOfFour(w2);
  }

  lemma RoundOfFour(w: seq<Team>)
    requires |w| == 4
    ensures Round(w) == SlotFixture(w, 0) + SlotFixture(w, 1)
  {
    assert RoundPrefix(w, 1) == SlotFixture(w, 0);
  }

  /** Five teams: the placeholder makes six entries, so five rounds of two real fixtures each. */
  lemma FiveTeams(teams: seq<Team>, r: int)
    requires ProperRoster(teams) && |teams| == 5 && 0 <= r < 5
    ensures |Padded(teams)| - 1 == 5
    ensures |Round(RotateN(Padded(teams), r))| == 2
  {
    PaddedFacts(teams);
    RoundLength(Padded(teams), 5, r);
  }
}
