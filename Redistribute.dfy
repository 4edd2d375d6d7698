/**
 * The per-day cap post-pass of ScheduleGenerator.generateConstrainedSchedule, as functions of
 * the generated match list: matches are grouped by date in list order, and a group larger than
 * the cap has its last `size - cap` members (Java int subtraction) moved to the following days,
 * one day apart, the last member to the day after the group's date.
 */
module Redistribution {
  import opened JavaText
  import opened Matches

  /** The indices below k of the matches dated d, in list order: a group of the date map. */
  function IndicesOn(ms: seq<Match>, k: nat, d: int): (g: seq<nat>)
    requires k <= |ms|
    ensures forall q :: 0 <= q < |g| ==> g[q] < k && ms[g[q]].date == d
    ensures forall q1, q2 :: 0 <= q1 < q2 < |g| ==> g[q1] < g[q2]
  {
    if k == 0 then [] else IndicesOn(ms, k - 1, d) + (if ms[k - 1].date == d then [k - 1] else [])
  }

  /** Every match below k dated d is in the group, at a position this lemma returns. */
  lemma {:induction false} IndicesOnComplete(ms: seq<Match>, k: nat, d: int, j: int) returns (q: int)
    requires k <= |ms| && 0 <= j < k && ms[j].date == d
    ensures 0 <= q < |IndicesOn(ms, k, d)| && IndicesOn(ms, k, d)[q] == j
  {
    if j == k - 1 {
      q := |IndicesOn(ms, k - 1, d)|;
    } else {
      q := IndicesOnComplete(ms, k - 1, d, j);
    }
  }

  /** The group of date d. */
  function Group(ms: seq<Match>, d: int): seq<nat>
  {
    IndicesOn(ms, |ms|, d)
  }

  /** How many earlier matches share match j's date: its position in its group. */
  function Rank(ms: seq<Match>, j: nat): nat
    requires j < |ms|
  {
    |IndicesOn(ms, j, ms[j].date)|
  }

  /** redistributeMatches runs off the front of a group of size s: `size - cap` exceeds the size. */
  predicate GroupFails(s: int, cap: int)
  {
    s > cap && WrapInt(s - cap) > s
  }

  /** Some group of the list is oversized and fails. */
  predicate AnyGroupFails(ms: seq<Match>, cap: int)
  {
    exists j :: 0 <= j < |ms| && GroupFails(|Group(ms, ms[j].date)|, cap)
  }

  /**
   * The date of match j afterwards: with s the size of its group and p its rank, loop step
   * i = s-1-p moves it to date + 1 + i when the group is over the cap and i < size - cap.
   */
  function ShiftedDate(ms: seq<Match>, cap: int, j: nat): int
    requires j < |ms|
  {
    var d := ms[j].date;
    var s := |Group(ms, d)|;
    var p := Rank(ms, j);
    if s > cap && s - 1 - p < WrapInt(s - cap) then d + s - p else d
  }

  /** Match j after the post-pass. */
  function Redistributed(ms: seq<Match>, cap: int, j: nat): Match
    requires j < |ms|
  {
    WithDate(ms[j], ShiftedDate(ms, cap, j))
  }

  // ---------------------------------------------------------------------------
  // Groups

  /** The groups of a shorter prefix are a prefix of the groups of a longer one. */
  lemma {:induction false} IndicesOnPrefix(ms: seq<Match>, k: nat, m: nat, d: int)
    requires k <= m <= |ms|
    ensures var gk, gm := IndicesOn(ms, k, d), IndicesOn(ms, m, d);
            |gk| <= |gm| && gm[..|gk|] == gk && forall q :: |gk| <= q < |gm| ==> gm[q] >= k
    decreases m - k
  {
    if k < m {
      IndicesOnPrefix(ms, k, m - 1, d);
      var gk, gm1 := IndicesOn(ms, k, d), IndicesOn(ms, m - 1, d);
      assert gm1[..|gk|] == gk;
      var gm := IndicesOn(ms, m, d);
      assert gm[..|gm1|] == gm1;
      assert gm[..|gk|] == gm1[..|gk|];
    }
  }

  /** The match at position q of its group has rank q. */
  lemma RankInGroup(ms: seq<Match>, d: int, q: int)
    requires 0 <= q < |Group(ms, d)|
    ensures Group(ms, d)[q] < |ms| && Rank(ms, Group(ms, d)[q]) == q
  {
    var g := Group(ms, d);
    var j := g[q];
    // the group up to j is the group below j followed by j itself, so j sits at position Rank
    IndicesOnPrefix(ms, j + 1, |ms|, d);
    var gj := IndicesOn(ms, j, d);
    assert IndicesOn(ms, j + 1, d) == gj + [j];
    assert g[|gj|] == j;
  }

  /** A match's group is the group of its date, and holds it at its rank. */
  lemma InOwnGroup(ms: seq<Match>, j: int)
    requires 0 <= j < |ms|
    ensures Rank(ms, j) < |Group(ms, ms[j].date)| && Group(ms, ms[j].date)[Rank(ms, j)] == j
  {
    var q := IndicesOnComplete(ms, |ms|, ms[j].date, j);
    RankInGroup(ms, ms[j].date, q);
  }

  // ---------------------------------------------------------------------------
  // What the post-pass does

  /** Only dates move: teams, venue, label and number stay, and a match never moves earlier. */
  lemma RedistributionKeepsAllButDates(ms: seq<Match>, cap: int, j: int)
    requires 0 <= j < |ms|
    ensures var m, m' := ms[j], Redistributed(ms, cap, j);
            && m'.team1 == m.team1 && m'.team2 == m.team2 && m'.venue == m.venue
            && m'.matchType == m.matchType && m'.matchNumber == m.matchNumber
            && m.date <= m'.date <= m.date + |Group(ms, m.date)|
  {
    InOwnGroup(ms, j);
  }

  /**
   * Within an oversized group that does not fail, the members that move are exactly the last
   * size - cap ones, and they land on distinct days after the group's date, the last member
   * first: member q goes to date + s - q.
   */
  lemma OversizedGroupSpreads(ms: seq<Match>, cap: int, d: int, q: int)
    requires 0 <= q < |Group(ms, d)| && |Group(ms, d)| > cap && !GroupFails(|Group(ms, d)|, cap)
    ensures var g, s := Group(ms, d), |Group(ms, d)|;
            g[q] < |ms| && ms[g[q]].date == d &&
            (if q >= s - WrapInt(s - cap) then ShiftedDate(ms, cap, g[q]) == d + s - q
             else ShiftedDate(ms, cap, g[q]) == d)
  {
    RankInGroup(ms, d, q);
  }

  /** A group within the cap is left alone. */
  lemma SmallGroupStays(ms: seq<Match>, cap: int, j: int)
    requires 0 <= j < |ms| && |Group(ms, ms[j].date)| <= cap
    ensures Redistributed(ms, cap, j) == ms[j]
  {
  }

  // ---------------------------------------------------------------------------
  // The steps of generateConstrainedSchedule

  /** The date map after the first k matches: computeIfAbsent(date, new list).add(match) for each. */
  function GroupsOf(ms: seq<Match>, k: nat): map<int, seq<nat>>
    requires k <= |ms|
  {
    if k == 0 then map[]
    else
      var byDate, d := GroupsOf(ms, k - 1), ms[k - 1].date;
      byDate[d := (if d in byDate then byDate[d] else []) + [k - 1]]
  }

  /** The dates of the first k matches, once each, in order of first appearance. */
  function DatesOf(ms: seq<Match>, k: nat): seq<int>
    requires k <= |ms|
  {
    if k == 0 then []
    else
      var order, d := DatesOf(ms, k - 1), ms[k - 1].date;
      if d in GroupsOf(ms, k - 1) then order else order + [d]
  }

  /** A date is in the date map exactly when some match so far has it. */
  lemma {:induction false} GroupsOfDomain(ms: seq<Match>, k: nat, d: int)
    requires k <= |ms|
    ensures d in GroupsOf(ms, k) <==> IndicesOn(ms, k, d) != []
    ensures d in GroupsOf(ms, k) <==> d in DatesOf(ms, k)
  {
    if k > 0 {
      GroupsOfDomain(ms, k - 1, d);
      assert IndicesOn(ms, k, d) == IndicesOn(ms, k - 1, d) + (if ms[k - 1].date == d then [k - 1] else []);
    }
  }

  /** The date map sends each date seen to its group so far. */
  lemma {:induction false} GroupsOfGroups(ms: seq<Match>, k: nat, d: int)
    requires k <= |ms| && d in GroupsOf(ms, k)
    ensures GroupsOf(ms, k)[d] == IndicesOn(ms, k, d)
  {
    var e := ms[k - 1].date;
    assert IndicesOn(ms, k, d) == IndicesOn(ms, k - 1, d) + (if e == d then [k - 1] else []);
    GroupsOfDomain(ms, k - 1, d);
    if d in GroupsOf(ms, k - 1) {
      GroupsOfGroups(ms, k - 1, d);
    }
  }

  /** Each date is listed once. */
  lemma {:induction false} DatesOfDistinct(ms: seq<Match>, k: nat)
    requires k <= |ms|
    ensures forall a, b :: 0 <= a < b < |DatesOf(ms, k)| ==> DatesOf(ms, k)[a] != DatesOf(ms, k)[b]
  {
    if k > 0 {
      DatesOfDistinct(ms, k - 1);
      GroupsOfDomain(ms, k - 1, ms[k - 1].date);
    }
  }

  /** Date n of the finished list: in the map with its whole group, nonempty, and not listed again. */
  lemma DateOrderAt(ms: seq<Match>, n: int)
    requires 0 <= n < |DatesOf(ms, |ms|)|
    ensures var order, d := DatesOf(ms, |ms|), DatesOf(ms, |ms|)[n];
            && d in GroupsOf(ms, |ms|) && GroupsOf(ms, |ms|)[d] == Group(ms, d) && Group(ms, d) != []
            && d !in order[n + 1..]
  {
    var order, d := DatesOf(ms, |ms|), DatesOf(ms, |ms|)[n];
    GroupsOfDomain(ms, |ms|, d);
    GroupsOfGroups(ms, |ms|, d);
    DatesOfDistinct(ms, |ms|);
  }

  /** Every match's date is listed. */
  lemma DatesOfComplete(ms: seq<Match>, j: int)
    requires 0 <= j < |ms|
    ensures ms[j].date in DatesOf(ms, |ms|)
  {
    var q := IndicesOnComplete(ms, |ms|, ms[j].date, j);
    GroupsOfDomain(ms, |ms|, ms[j].date);
  }

  /** The schedule's matches once the groups of every date but those `pending` are redistributed. */
  predicate PartlyRedistributed(ms: seq<Match>, cap: int, cur: seq<Match>, pending: seq<int>)
  {
    && |cur| == |ms|
    && forall j {:trigger cur[j]} :: 0 <= j < |ms| ==> cur[j] == if ms[j].date in pending then ms[j] else Redistributed(ms, cap, j)
  }

  /** Before any group is handled, every date is pending. */
  lemma PartlyRedistributedStart(ms: seq<Match>, cap: int)
    ensures PartlyRedistributed(ms, cap, ms, DatesOf(ms, |ms|)[0..])
  {
    forall j | 0 <= j < |ms|
      ensures ms[j].date in DatesOf(ms, |ms|)[0..]
    {
      DatesOfComplete(ms, j);
    }
  }

  /** The groups of order[..n] were handled without failing. */
  predicate HandledWithoutFailure(ms: seq<Match>, cap: int, order: seq<int>, n: int)
    requires 0 <= n <= |order|
  {
    forall i :: 0 <= i < n ==> !GroupFails(|Group(ms, order[i])|, cap)
  }

  lemma HandledStep(ms: seq<Match>, cap: int, order: seq<int>, n: int, g: seq<nat>)
    requires 0 <= n < |order| && HandledWithoutFailure(ms, cap, order, n)
    requires g == Group(ms, order[n]) && !GroupFails(|g|, cap)
    ensures HandledWithoutFailure(ms, cap, order, n + 1)
  {
  }

  /** Once every listed group is handled without failing, no group fails and every match is redistributed. */
  lemma PartlyRedistributedDone(ms: seq<Match>, cap: int, cur: seq<Match>, order: seq<int>, n: int)
    requires order == DatesOf(ms, |ms|) && n == |order|
    requires PartlyRedistributed(ms, cap, cur, order[n..]) && HandledWithoutFailure(ms, cap, order, n)
    ensures !AnyGroupFails(ms, cap)
    ensures |cur| == |ms| && forall j :: 0 <= j < |ms| ==> cur[j] == Redistributed(ms, cap, j)
  {
    forall j | 0 <= j < |ms|
      ensures !GroupFails(|Group(ms, ms[j].date)|, cap)
    {
      DatesOfComplete(ms, j);
    }
  }

  /** Leaving the group of order[n] alone when it is within the cap counts as redistributing it. */
  lemma SmallGroupStep(ms: seq<Match>, cap: int, cur: seq<Match>, order: seq<int>, n: int)
    requires 0 <= n < |order| && PartlyRedistributed(ms, cap, cur, order[n..]) && |Group(ms, order[n])| <= cap
    ensures PartlyRedistributed(ms, cap, cur, order[n + 1..])
  {
    assert order[n..] == [order[n]] + order[n + 1..];
    forall j | 0 <= j < |ms| && ms[j].date == order[n]
      ensures cur[j] == Redistributed(ms, cap, j)
    {
      SmallGroupStays(ms, cap, j);
    }
  }

  /** One member of an oversized group: moved to d + s - rank exactly when Redistributed moves it. */
  lemma OversizedMemberStep(ms: seq<Match>, cap: int, d: int, j: int, before: Match, after: Match)
    requires 0 <= j < |ms| && ms[j].date == d && before == ms[j]
    requires var s, q := |Group(ms, d)|, Rank(ms, j);
             s > cap && after == if s - 1 - q < WrapInt(s - cap) then WithDate(before, d + s - q) else before
    ensures after == Redistributed(ms, cap, j)
  {
  }

  /**
   * Moving the last WrapInt(s - cap) members of the oversized group g of date d = order[n],
   * member q to d + s - q, and nothing else, redistributes that group.
   */
  lemma OversizedGroupStep(ms: seq<Match>, cap: int, cur: seq<Match>, next: seq<Match>, order: seq<int>, n: int,
                           g: seq<nat>, d: int)
    requires 0 <= n < |order| && d == order[n] && g == Group(ms, d) && d !in order[n + 1..]
    requires PartlyRedistributed(ms, cap, cur, order[n..]) && |g| > cap && |next| == |cur|
    requires forall q :: 0 <= q < |g| ==>
               next[g[q]] == if |g| - 1 - q < WrapInt(|g| - cap) then WithDate(cur[g[q]], d + |g| - q) else cur[g[q]]
    requires forall j :: 0 <= j < |next| && j !in g ==> next[j] == cur[j]
    ensures PartlyRedistributed(ms, cap, next, order[n + 1..])
  {
    assert order[n..] == [d] + order[n + 1..];
    forall j | 0 <= j < |ms|
      ensures next[j] == if ms[j].date in order[n + 1..] then ms[j] else Redistributed(ms, cap, j)
    {
      if ms[j].date == d {
        InOwnGroup(ms, j);
        OversizedMemberStep(ms, cap, d, j, cur[j], next[j]);
      } else {
        assert j !in g;
      }
    }
  }
}
