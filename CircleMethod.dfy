/**
 * Index arithmetic of the circle method on a working list of even size n >= 2.
 * Entry 0 is the anchor; each rotation moves the last entry to position 1.
 * With m = n - 1 movable entries, after r rotations (0 <= r <= m) the entry at
 * position p came from position Pos(n, r, p), and the entry that started at x
 * stands at position PosOf(n, r, x). In every round, position p plays position m - p.
 */
module CircleMethod {

  /** A working size the circle method runs on. */
  predicate EvenSize(n: int) { n >= 2 && n % 2 == 0 }

  /** Original index of the entry at position p after r rotations. */
  function Pos(n: int, r: int, p: int): (x: int)
    requires EvenSize(n) && 0 <= r <= n - 1 && 0 <= p < n
    ensures 0 <= x < n
    ensures p == 0 <==> x == 0
  {
    if p == 0 then 0 else if p > r then p - r else p - r + (n - 1)
  }

  /** Position, after r rotations, of the entry that started at index x. */
  function PosOf(n: int, r: int, x: int): (p: int)
    requires EvenSize(n) && 0 <= r <= n - 1 && 0 <= x < n
    ensures 0 <= p < n
    ensures Pos(n, r, p) == x
  {
    if x == 0 then 0 else if x + r <= n - 1 then x + r else x + r - (n - 1)
  }

  /** Pos is a bijection on positions: PosOf undoes it. */
  lemma PosOfPos(n: int, r: int, p: int)
    requires EvenSize(n) && 0 <= r <= n - 1 && 0 <= p < n
    ensures PosOf(n, r, Pos(n, r, p)) == p
  {
  }

  lemma PosInjective(n: int, r: int, p: int, q: int)
    requires EvenSize(n) && 0 <= r <= n - 1 && 0 <= p < n && 0 <= q < n
    ensures Pos(n, r, p) == Pos(n, r, q) <==> p == q
  {
    PosOfPos(n, r, p);
    PosOfPos(n, r, q);
  }

  /** One more rotation: position 1 receives the last entry, positions p >= 2 receive p - 1. */
  lemma PosStep(n: int, r: int, p: int)
    requires EvenSize(n) && 0 <= r < n - 1 && 0 <= p < n
    ensures Pos(n, r + 1, p) == Pos(n, r, if p == 0 then 0 else if p == 1 then n - 1 else p - 1)
  {
  }

  /** After m = n - 1 rotations every entry is back where it started. */
  lemma PosFullTurn(n: int, p: int)
    requires EvenSize(n) && 0 <= p < n
    ensures Pos(n, n - 1, p) == p
  {
  }

  /** The opponent of entry x in round r: the entry opposite its position. */
  function Partner(n: int, r: int, x: int): (y: int)
    requires EvenSize(n) && 0 <= r <= n - 1 && 0 <= x < n
    ensures 0 <= y < n
  {
    Pos(n, r, (n - 1) - PosOf(n, r, x))
  }

  /** Nobody plays themself, and the partner relation is symmetric. */
  lemma PartnerIrreflexiveSymmetric(n: int, r: int, x: int)
    requires EvenSize(n) && 0 <= r <= n - 1 && 0 <= x < n
    ensures Partner(n, r, x) != x
    ensures Partner(n, r, Partner(n, r, x)) == x
  {
    var p := PosOf(n, r, x);
    PosInjective(n, r, p, (n - 1) - p);
    PosOfPos(n, r, (n - 1) - p);
  }

  /** Closed form of the partner: 0 exactly when x + r = m; otherwise partner + x + 2r is m, 2m or 3m. */
  lemma PartnerArithmetic(n: int, r: int, x: int)
    requires EvenSize(n) && 0 <= r < n - 1 && 0 <= x < n
    ensures x == 0 ==> Partner(n, r, x) == (n - 1) - r
    ensures x > 0 ==> (Partner(n, r, x) == 0 <==> x + r == n - 1)
    ensures x > 0 && Partner(n, r, x) != 0 ==>
              var s := Partner(n, r, x) + x + 2 * r;
              s == n - 1 || s == 2 * (n - 1) || s == 3 * (n - 1)
  {
  }

  /** In distinct rounds an entry has distinct partners. */
  lemma {:induction false} PartnerInjective(n: int, x: int, r1: int, r2: int)
    requires EvenSize(n) && 0 <= x < n && 0 <= r1 < n - 1 && 0 <= r2 < n - 1
    requires Partner(n, r1, x) == Partner(n, r2, x)
    ensures r1 == r2
  {
    PartnerArithmetic(n, r1, x);
    PartnerArithmetic(n, r2, x);
    var m := n - 1;
    assert m % 2 == 1;
    if x > 0 && Partner(n, r1, x) != 0 {
      var d := 2 * (r1 - r2);
      assert d == 0 || d == m || d == -m || d == 2 * m || d == -2 * m;
    }
  }

  /** Every other entry is the partner of x in some round. */
  lemma {:induction false} PartnerSurjective(n: int, x: int, y: int) returns (r: int)
    requires EvenSize(n) && 0 <= x < n && 0 <= y < n && x != y
    ensures 0 <= r < n - 1 && Partner(n, r, x) == y
  {
    var m := n - 1;
    if x == 0 {
      r := m - y;
      PartnerArithmetic(n, r, x);
    } else if y == 0 {
      r := m - x;
      PartnerArithmetic(n, r, x);
    } else {
      r := MeetingRound(n, x, y);
      PartnerFromSum(n, x, y, r);
    }
  }

  /** For entries other than 0, a round r with x + y + 2r equal to m, 2m or 3m. */
  lemma MeetingRound(n: int, x: int, y: int) returns (r: int)
    requires EvenSize(n) && 0 < x < n && 0 < y < n && x != y
    ensures 0 <= r < n - 1
    ensures var s := y + x + 2 * r; s == n - 1 || s == 2 * (n - 1) || s == 3 * (n - 1)
  {
    var m := n - 1;
    var a := if (x + y) % 2 == 0 then 2 * m - x - y else if x + y <= m then m - x - y else 3 * m - x - y;
    assert a % 2 == 0;
    r := a / 2;
    assert 2 * r == a;
  }

  /** Two entries other than 0 meet in round r when x + y + 2r is m, 2m or 3m. */
  lemma PartnerFromSum(n: int, x: int, y: int, r: int)
    requires EvenSize(n) && 0 < x < n && 0 < y < n && x != y && 0 <= r < n - 1
    requires var s := y + x + 2 * r; s == n - 1 || s == 2 * (n - 1) || s == 3 * (n - 1)
    ensures Partner(n, r, x) == y
  {
    PartnerArithmetic(n, r, x);
    var p := Partner(n, r, x);
    if p != 0 {
      var s, t := y + x + 2 * r, p + x + 2 * r;
      assert p - y == t - s;
    }
  }

  /** The slot (board) an entry occupies in round r: slot i pairs positions i and m - i, i < n/2. */
  function SlotOf(n: int, r: int, x: int): (i: int)
    requires EvenSize(n) && 0 <= r <= n - 1 && 0 <= x < n
    ensures 0 <= i < n / 2
    ensures x == Pos(n, r, i) || x == Pos(n, r, (n - 1) - i)
  {
    var p := PosOf(n, r, x);
    if p < n / 2 then p else (n - 1) - p
  }

  /** An entry stands in exactly one slot of a round, opposite its partner. */
  lemma SlotOfUnique(n: int, r: int, x: int, i: int)
    requires EvenSize(n) && 0 <= r <= n - 1 && 0 <= x < n && 0 <= i < n / 2
    requires x == Pos(n, r, i) || x == Pos(n, r, (n - 1) - i)
    ensures i == SlotOf(n, r, x)
    ensures x == Pos(n, r, i) ==> Partner(n, r, x) == Pos(n, r, (n - 1) - i)
    ensures x == Pos(n, r, (n - 1) - i) ==> Partner(n, r, x) == Pos(n, r, i)
  {
    PosOfPos(n, r, i);
    PosOfPos(n, r, (n - 1) - i);
  }

  /** The unordered index pair of slot i in round r. */
  function SlotPair(n: int, r: int, i: int): set<int>
    requires EvenSize(n) && 0 <= r <= n - 1 && 0 <= i < n / 2
  {
    {Pos(n, r, i), Pos(n, r, (n - 1) - i)}
  }

  /** A slot never pairs an entry with itself. */
  lemma SlotPairDistinct(n: int, r: int, i: int)
    requires EvenSize(n) && 0 <= r <= n - 1 && 0 <= i < n / 2
    ensures Pos(n, r, i) != Pos(n, r, (n - 1) - i)
  {
    PosInjective(n, r, i, (n - 1) - i);
  }

  /** 1-factorization, uniqueness: one pair is never played in two different slots. */
  lemma {:induction false} SlotPairUnique(n: int, r1: int, i1: int, r2: int, i2: int)
    requires EvenSize(n) && 0 <= r1 < n - 1 && 0 <= r2 < n - 1 && 0 <= i1 < n / 2 && 0 <= i2 < n / 2
    requires SlotPair(n, r1, i1) == SlotPair(n, r2, i2)
    ensures r1 == r2 && i1 == i2
  {
    var x, y := Pos(n, r1, i1), Pos(n, r1, (n - 1) - i1);
    SlotOfUnique(n, r1, x, i1);
    assert x in SlotPair(n, r2, i2);
    SlotOfUnique(n, r2, x, i2);
    SlotPairDistinct(n, r2, i2);
    SlotPairDistinct(n, r1, i1);
    assert y in SlotPair(n, r2, i2);
    PartnerInjective(n, x, r1, r2);
  }

  /** 1-factorization, coverage: every pair of distinct entries is played in some slot. */
  lemma {:induction false} SlotPairExists(n: int, x: int, y: int) returns (r: int, i: int)
    requires EvenSize(n) && 0 <= x < n && 0 <= y < n && x != y
    ensures 0 <= r < n - 1 && 0 <= i < n / 2 && SlotPair(n, r, i) == {x, y}
  {
    r := PartnerSurjective(n, x, y);
    i := SlotOf(n, r, x);
    SlotOfUnique(n, r, x, i);
  }
}
